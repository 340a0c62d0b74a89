/** Headings (`manageHeading`, src/index.ts:1664-1813). A heading line is
    `={1,6}`, an optional `#` (folded), an optional space and the rest of
    the line, as captured by the heading expression. It is accepted when
    the rest ends with the same `#` and `=` run; accepted headings are
    numbered with a six-slot counter, other lines are written back with
    their leading and trailing `=` runs hidden behind `<heading_N>` markers
    so that they are not matched again, and the markers are turned back
    into `=` at the end. */
module Heading {
  import opened Strings

  /** `"=".repeat(k)`. */
  function Eq(k: nat): string { Repeat('=', k) }

  /** The marker `<heading_k>` that stands for a run of `k` signs. */
  function Marker(k: nat): string
    requires 1 <= k <= 6
  {
    "<heading_" + NatToString(k) + ">"
  }

  lemma MarkerShape(k: nat)
    requires 1 <= k <= 6
    ensures NatToString(k) == [('0' as nat + k) as char]
    ensures |Marker(k)| == 11 && Marker(k)[0] == '<' && Marker(k)[10] == '>'
    ensures Marker(k)[9] == ('0' as nat + k) as char
    ensures forall i :: 1 <= i < 11 ==> Marker(k)[i] != '<'
    ensures '=' !in Marker(k)
  {
  }

  lemma MarkersShape()
    ensures forall k :: 1 <= k <= 6 ==>
      |Marker(k)| == 11 && Marker(k)[0] == '<' && Marker(k)[10] == '>' && '=' !in Marker(k)
  {
    forall k | 1 <= k <= 6
      ensures |Marker(k)| == 11 && Marker(k)[0] == '<' && Marker(k)[10] == '>' && '=' !in Marker(k)
    {
      MarkerShape(k);
    }
  }

  // ---------------------------------------------------------------------
  // The closing run: ` ?(#?={1,6}[^=]*)$` on the rest of the line

  /** Number of `=` signs starting at `p`. */
  function EqRun(t: string, p: nat): (k: nat)
    ensures p + k <= |t| || k == 0
    ensures forall i :: p <= i < p + k ==> t[i] == '='
    ensures p + k < |t| ==> t[p + k] != '='
    decreases |t| - p
  {
    if p < |t| && t[p] == '=' then 1 + EqRun(t, p + 1) else 0
  }

  /** The closing expression tried at position `p`: on success, where its
      group starts (after the optional space). */
  function ClosingAt(t: string, p: nat): (g: Option<nat>)
    ensures g.Some? ==> p <= g.value <= |t|
  {
    if p > |t| then None
    else
      var p1 := if p < |t| && t[p] == ' ' then p + 1 else p;
      var p2 := if p1 < |t| && t[p1] == '#' then p1 + 1 else p1;
      var k := EqRun(t, p2);
      if 1 <= k <= 6 && '=' !in t[p2 + k..] then Some(p1) else None
  }

  /** The leftmost position at or after `p` where the closing expression matches. */
  function ClosingFrom(t: string, p: nat): (r: Option<(nat, nat)>)
    ensures r.Some? ==> p <= r.value.0 <= r.value.1 <= |t| && ClosingAt(t, r.value.0) == Some(r.value.1)
    ensures r.Some? ==> forall q :: p <= q < r.value.0 ==> ClosingAt(t, q).None?
    ensures r.None? ==> forall q :: p <= q <= |t| ==> ClosingAt(t, q).None?
    decreases |t| + 1 - p
  {
    if p > |t| then None
    else match ClosingAt(t, p)
      case Some(g) => Some((p, g))
      case None => ClosingFrom(t, p + 1)
  }

  /** The closing run the line ends with ("" if there is none). */
  function ClosingRun(t: string): string {
    match ClosingFrom(t, 0)
    case None => ""
    case Some((_, g)) => t[g..]
  }

  /** The heading's text: the rest with its closing run (and the space
      before it) removed. */
  function HeadingText(t: string): string {
    match ClosingFrom(t, 0)
    case None => t
    case Some((p, _)) => t[..p]
  }

  /** The captured groups of one heading line. */
  type Level = k: nat | 1 <= k <= 6 witness 1

  datatype Line = Line(level: Level, fold: bool, space: bool, rest: string)

  function Hash(fold: bool): string { if fold then "#" else "" }

  /** The whole line, as matched (group 1). */
  function LineText(l: Line): string {
    Eq(l.level) + Hash(l.fold) + (if l.space then " " else "") + l.rest
  }

  /** The front (`#` then the `=` run) equals the closing run. */
  predicate Accepted(l: Line) {
    Hash(l.fold) + Eq(l.level) == ClosingRun(l.rest)
  }

  /** A well-formed heading — a title without `=`, a space, then the same
      `#` and `=` run as in front — is accepted, and its text is the title. */
  lemma WellFormedAccepted(level: nat, fold: bool, space: bool, title: string)
    requires 1 <= level <= 6 && '=' !in title
    ensures var l := Line(level, fold, space, title + " " + Hash(fold) + Eq(level));
      Accepted(l) && HeadingText(l.rest) == title
  {
    var t := title + " " + Hash(fold) + Eq(level);
    var p := |title|;
    ClosingAtTitleEnd(level, fold, title);
    forall q | 0 <= q < p ensures ClosingAt(t, q).None? {
      NoEarlierClosing(title, t, q, fold, level);
    }
    ClosingFromFirst(t, 0, p);
    HeadingParts(level, fold, title);
  }

  /** The closing run of a well-formed heading starts right after the title. */
  lemma ClosingAtTitleEnd(level: nat, fold: bool, title: string)
    requires 1 <= level <= 6
    ensures var t := title + " " + Hash(fold) + Eq(level);
      ClosingAt(t, |title|) == Some(|title| + 1)
  {
    var t := title + " " + Hash(fold) + Eq(level);
    var p := |title|;
    var p2 := p + 1 + |Hash(fold)|;
    assert t[p] == ' ';
    assert fold ==> t[p + 1] == '#';
    assert !fold ==> t[p + 1] == '=';
    assert t[p2..] == Eq(level);
    EqRunAll(t, p2, level);
    assert t[p2 + level..] == [];
  }

  lemma HeadingParts(level: nat, fold: bool, title: string)
    ensures var t := title + " " + Hash(fold) + Eq(level);
      t[..|title|] == title && t[|title| + 1..] == Hash(fold) + Eq(level)
  {
    var t := title + " " + Hash(fold) + Eq(level);
    assert t[|title| + 1..] == Hash(fold) + Eq(level);
    assert t[..|title|] == title;
  }

  lemma {:induction false} EqRunAll(t: string, p: nat, k: nat)
    requires p + k == |t| && t[p..] == Eq(k)
    ensures EqRun(t, p) == k
    decreases k
  {
    if k > 0 {
      assert t[p] == t[p..][0] == '=';
      assert t[p + 1..] == t[p..][1..];
      EqRunAll(t, p + 1, k - 1);
    }
  }

  lemma NoEarlierClosing(title: string, t: string, q: nat, fold: bool, level: nat)
    requires 1 <= level <= 6 && '=' !in title
    requires t == title + " " + Hash(fold) + Eq(level) && q < |title|
    ensures ClosingAt(t, q).None?
  {
    var p := |title|;
    var p1 := if t[q] == ' ' then q + 1 else q;
    var p2 := if p1 < |t| && t[p1] == '#' then p1 + 1 else p1;
    assert t[p] == ' ';
    assert p1 <= p;
    assert p2 <= p;
    assert p2 < p ==> t[p2] == title[p2];
    assert t[p2] != '=';
    assert EqRun(t, p2) == 0;
  }

  /** The leftmost match is the first position where the expression matches. */
  lemma ClosingFromFirst(t: string, i: nat, p: nat)
    requires i <= p <= |t| && ClosingAt(t, p).Some?
    requires forall q :: i <= q < p ==> ClosingAt(t, q).None?
    ensures ClosingFrom(t, i) == Some((p, ClosingAt(t, p).value))
  {
    var r := ClosingFrom(t, i);
    if r.Some? {
      var q := r.value.0;
      assert !(q < p) by { assert ClosingAt(t, q).Some?; }
    }
  }

  lemma ClosingFromSkips(t: string, i: nat)
    requires i < |t| && ClosingAt(t, i).None?
    ensures ClosingFrom(t, i) == ClosingFrom(t, i + 1)
  {
  }

  /** Conversely, an accepted line ends with its front run, and its text
      is what comes before that run, less one space. */
  lemma AcceptedEndsWithFront(l: Line)
    requires Accepted(l)
    ensures var front := Hash(l.fold) + Eq(l.level);
      EndsWith(l.rest, front)
      && (HeadingText(l.rest) == l.rest[..|l.rest| - |front|]
          || HeadingText(l.rest) + " " == l.rest[..|l.rest| - |front|])
  {
    var t := l.rest;
    var front := Hash(l.fold) + Eq(l.level);
    var r := ClosingFrom(t, 0);
    assert r.None? ==> ClosingRun(t) == "";
    assert |front| >= 1;
    var (p, g) := r.value;
    assert t[g..] == front;
    assert t[|t| - |front|..] == front;
    assert g == p || (g == p + 1 && t[p] == ' ');
    assert t[..g] == t[..|t| - |front|];
    if g == p + 1 {
      assert t[..g] == t[..p] + " ";
    }
  }

  // ---------------------------------------------------------------------
  // Rejected lines: `<heading_N>` markers (1697-1704, 1788-1792)

  /** One round of `replace(/^={k}|={k}$/g, "<heading_k>")`. */
  function MarkStep(s: string, k: nat): string
    requires 1 <= k <= 6
  {
    if StartsWith(s, Eq(k)) then
      Marker(k) + (if |s| >= 2 * k && EndsWith(s, Eq(k)) then s[k..|s| - k] + Marker(k) else s[k..])
    else if EndsWith(s, Eq(k)) then s[..|s| - k] + Marker(k)
    else s
  }

  /** The rounds for k = 6 down to 1. */
  function MarkFrom(s: string, k: nat): string
    requires k <= 6
    decreases k
  {
    if k == 0 then s else MarkFrom(MarkStep(s, k), k - 1)
  }

  function Mark(s: string): string { MarkFrom(s, 6) }

  /** The final pass: `<heading_k>` back to `k` signs, for k = 1 up to 6. */
  function UnmarkFrom(s: string, k: nat): string
    requires 1 <= k <= 7
    decreases 7 - k
  {
    if k == 7 then s else UnmarkFrom(ReplaceAll(s, Marker(k), Eq(k)), k + 1)
  }

  function Unmark(s: string): string { UnmarkFrom(s, 1) }

  /** The end piece of a marked line: nothing, or a marker for `a` signs. */
  function Piece(a: nat): string
    requires a <= 6
  {
    if a == 0 then "" else Marker(a)
  }

  /** The same piece while unmarking, before round `j`. */
  function PieceBefore(a: nat, j: nat): string
    requires a <= 6
  {
    if a == 0 then "" else if a < j then Eq(a) else Marker(a)
  }

  /** A marked line: markers for `a` and `b` signs around the untouched middle. */
  predicate Shaped(cur: string, x: string, a: nat, mid: string, b: nat) {
    a <= 6 && b <= 6 && !Occurs("<heading_", mid)
    && cur == Piece(a) + mid + Piece(b) && x == Eq(a) + mid + Eq(b)
  }

  lemma EqPrefix(s: string, k: nat)
    requires StartsWith(s, Eq(k))
    ensures forall i :: 0 <= i < k ==> s[i] == '='
  {
    forall i | 0 <= i < k ensures s[i] == '=' {
      assert s[..k][i] == s[i];
    }
  }

  /** A line that a round marks at the front: unmarked there, with the
      signs inside the middle. */
  lemma FrontFacts(cur: string, x: string, a: nat, mid: string, b: nat, k: nat)
    requires 1 <= k <= 6 && Shaped(cur, x, a, mid, b) && StartsWith(cur, Eq(k))
    ensures a == 0 && cur == mid + Piece(b) && |mid| >= k && mid[..k] == Eq(k)
  {
    MarkersShape();
    EqPrefix(cur, k);
    var first := cur[0];
    assert first == '=';
    assert a == 0;
    assert cur == mid + Piece(b);
    var after := if |mid| < |cur| then cur[|mid|] else '=';
    assert b > 0 ==> after == '<';
    assert |mid| >= k;
    assert mid[..k] == cur[..k];
  }

  /** A line that a round marks at the back: unmarked there, with the
      signs inside the middle. */
  lemma BackFacts(cur: string, x: string, a: nat, mid: string, b: nat, k: nat)
    requires 1 <= k <= 6 && Shaped(cur, x, a, mid, b) && EndsWith(cur, Eq(k))
    ensures b == 0 && cur == Piece(a) + mid && |mid| >= k && mid[|mid| - k..] == Eq(k)
  {
    MarkersShape();
    EqSuffix(cur, k);
    var last := cur[|cur| - 1];
    assert last == '=';
    assert b == 0;
    assert cur == Piece(a) + mid;
    var before := if |mid| < |cur| then cur[|cur| - 1 - |mid|] else '=';
    assert a > 0 ==> before == '>';
    assert |mid| >= k;
    assert mid[|mid| - k..] == cur[|cur| - k..];
  }

  /** A round keeps the shape. */
  lemma MarkStepShape(cur: string, x: string, a: nat, mid: string, b: nat, k: nat)
      returns (a': nat, mid': string, b': nat)
    requires 1 <= k <= 6 && Shaped(cur, x, a, mid, b)
    ensures Shaped(MarkStep(cur, k), x, a', mid', b')
  {
    if StartsWith(cur, Eq(k)) {
      if |cur| >= 2 * k && EndsWith(cur, Eq(k)) {
        a', mid', b' := MarkBoth(cur, x, a, mid, b, k);
      } else {
        a', mid', b' := MarkFront(cur, x, a, mid, b, k);
      }
    } else if EndsWith(cur, Eq(k)) {
      a', mid', b' := MarkBack(cur, x, a, mid, b, k);
    } else {
      a', mid', b' := a, mid, b;
    }
  }

  lemma MarkBoth(cur: string, x: string, a: nat, mid: string, b: nat, k: nat)
      returns (a': nat, mid': string, b': nat)
    requires 1 <= k <= 6 && Shaped(cur, x, a, mid, b)
    requires StartsWith(cur, Eq(k)) && |cur| >= 2 * k && EndsWith(cur, Eq(k))
    ensures Shaped(MarkStep(cur, k), x, a', mid', b')
  {
    MarkerShape(k);
    FrontFacts(cur, x, a, mid, b, k);
    BackFacts(cur, x, a, mid, b, k);
    a', mid', b' := k, mid[k..|mid| - k], k;
    assert mid == Eq(k) + mid' + Eq(k);
    NoTagAfter(mid, k);
    assert mid' == mid[k..][..|mid| - 2 * k];
    NoTagBefore(mid[k..], |mid| - 2 * k);
    assert MarkStep(cur, k) == Marker(k) + mid' + Marker(k);
  }

  lemma MarkFront(cur: string, x: string, a: nat, mid: string, b: nat, k: nat)
      returns (a': nat, mid': string, b': nat)
    requires 1 <= k <= 6 && Shaped(cur, x, a, mid, b)
    requires StartsWith(cur, Eq(k)) && !(|cur| >= 2 * k && EndsWith(cur, Eq(k)))
    ensures Shaped(MarkStep(cur, k), x, a', mid', b')
  {
    FrontFacts(cur, x, a, mid, b, k);
    a', mid', b' := k, mid[k..], b;
    FrontSplit(x, mid, b, k);
    FrontStep(cur, mid, b, k);
    NoTagAfter(mid, k);
  }

  /** The signs the round takes leave the middle. */
  lemma FrontSplit(x: string, mid: string, b: nat, k: nat)
    requires k <= |mid| && mid[..k] == Eq(k) && x == Eq(0) + mid + Eq(b)
    ensures x == Eq(k) + mid[k..] + Eq(b)
  {
    assert Eq(0) == [];
    assert mid == mid[..k] + mid[k..];
  }

  /** The round marks the front only. */
  lemma FrontStep(cur: string, mid: string, b: nat, k: nat)
    requires 1 <= k <= 6 && b <= 6 && k <= |mid| && cur == mid + Piece(b)
    requires StartsWith(cur, Eq(k)) && !(|cur| >= 2 * k && EndsWith(cur, Eq(k)))
    ensures MarkStep(cur, k) == Piece(k) + mid[k..] + Piece(b)
  {
    assert MarkStep(cur, k) == Marker(k) + cur[k..];
    assert cur[k..] == mid[k..] + Piece(b);
  }

  lemma NoTagAfter(mid: string, k: nat)
    requires k <= |mid| && !Occurs("<heading_", mid)
    ensures !Occurs("<heading_", mid[k..])
  {
    NotOccursSuffix("<heading_", mid, k);
  }

  lemma MarkBack(cur: string, x: string, a: nat, mid: string, b: nat, k: nat)
      returns (a': nat, mid': string, b': nat)
    requires 1 <= k <= 6 && Shaped(cur, x, a, mid, b)
    requires !StartsWith(cur, Eq(k)) && EndsWith(cur, Eq(k))
    ensures Shaped(MarkStep(cur, k), x, a', mid', b')
  {
    BackFacts(cur, x, a, mid, b, k);
    a', mid', b' := a, mid[..|mid| - k], k;
    BackSplit(x, a, mid, k);
    BackStep(cur, a, mid, k);
    NoTagBefore(mid, |mid| - k);
  }

  /** The signs the round takes leave the middle. */
  lemma BackSplit(x: string, a: nat, mid: string, k: nat)
    requires k <= |mid| && mid[|mid| - k..] == Eq(k) && x == Eq(a) + mid + Eq(0)
    ensures x == Eq(a) + mid[..|mid| - k] + Eq(k)
  {
    assert Eq(0) == [];
    assert mid == mid[..|mid| - k] + mid[|mid| - k..];
  }

  /** The round marks the back only. */
  lemma BackStep(cur: string, a: nat, mid: string, k: nat)
    requires 1 <= k <= 6 && a <= 6 && k <= |mid| && cur == Piece(a) + mid
    requires !StartsWith(cur, Eq(k)) && EndsWith(cur, Eq(k))
    ensures MarkStep(cur, k) == Piece(a) + mid[..|mid| - k] + Piece(k)
  {
    assert MarkStep(cur, k) == cur[..|cur| - k] + Marker(k);
    assert cur[..|cur| - k] == Piece(a) + mid[..|mid| - k];
  }

  lemma NoTagBefore(mid: string, e: nat)
    requires e <= |mid| && !Occurs("<heading_", mid)
    ensures !Occurs("<heading_", mid[..e])
  {
    NotOccursPrefix("<heading_", mid, e);
  }

  lemma EqSuffix(s: string, k: nat)
    requires EndsWith(s, Eq(k))
    ensures forall i :: |s| - k <= i < |s| ==> s[i] == '='
  {
    forall i | |s| - k <= i < |s| ensures s[i] == '=' {
      assert s[|s| - k..][i - (|s| - k)] == s[i];
    }
  }

  lemma {:induction false} MarkFromShape(cur: string, x: string, a: nat, mid: string, b: nat, k: nat)
      returns (a': nat, mid': string, b': nat)
    requires k <= 6 && Shaped(cur, x, a, mid, b)
    ensures Shaped(MarkFrom(cur, k), x, a', mid', b')
    decreases k
  {
    if k == 0 {
      a', mid', b' := a, mid, b;
    } else {
      var a1, mid1, b1 := MarkStepShape(cur, x, a, mid, b, k);
      a', mid', b' := MarkFromShape(MarkStep(cur, k), x, a1, mid1, b1, k - 1);
    }
  }

  /** A piece is unchanged or decoded by round `j`; nothing inside it
      starts a marker other than its own. */
  lemma UnmarkPiece(a: nat, j: nat, rest: string)
    requires a <= 6 && 1 <= j <= 6
    ensures ReplaceAll(PieceBefore(a, j) + rest, Marker(j), Eq(j))
         == PieceBefore(a, j + 1) + ReplaceAll(rest, Marker(j), Eq(j))
  {
    MarkerShape(j);
    var p := PieceBefore(a, j);
    if a == 0 {
      assert p + rest == rest;
    } else if a < j {
      assert p == Eq(a);
      if |p + rest| >= 11 {
        assert (p + rest)[0] == '=';
        assert (p + rest)[..11][0] == '=';
      }
      ReplaceAllSkip(p, rest, Marker(j), Eq(j));
    } else if a == j {
      ReplaceAllHit(rest, Marker(j), Eq(j));
    } else {
      MarkerShape(a);
      assert (p + rest)[..11] == p;
      assert p[9] != Marker(j)[9];
      ReplaceAllSkip(p, rest, Marker(j), Eq(j));
    }
  }

  /** The untouched middle holds no marker, and none starts in it and
      runs into the piece after it. */
  lemma UnmarkMid(mid: string, rest: string, j: nat)
    requires 1 <= j <= 6 && !Occurs("<heading_", mid)
    requires rest == [] || rest[0] == '=' || rest[0] == '<'
    ensures ReplaceAll(mid + rest, Marker(j), Eq(j)) == mid + ReplaceAll(rest, Marker(j), Eq(j))
  {
    forall i | 0 <= i < |mid| ensures !StartsWith((mid + rest)[i..], Marker(j)) {
      MidNoMarker(mid, rest, j, i);
    }
    ReplaceAllPast(mid, rest, Marker(j), Eq(j));
  }

  /** A marker starting inside the middle would either put `<heading_`
      inside it or meet the first character of the piece after it, which
      is `=` or `<`. */
  lemma MidNoMarker(mid: string, rest: string, j: nat, i: nat)
    requires 1 <= j <= 6 && !Occurs("<heading_", mid) && i < |mid|
    requires rest == [] || rest[0] == '=' || rest[0] == '<'
    ensures !StartsWith((mid + rest)[i..], Marker(j))
  {
    MarkerShape(j);
    var m := Marker(j);
    var t := (mid + rest)[i..];
    if i + 9 <= |mid| {
      NotOccursAt("<heading_", mid, i);
      assert m[..9] == "<heading_";
      assert t[..9] == mid[i..][..9];
    } else if |t| >= 11 {
      var q := |mid| - i;
      assert 1 <= q < 11 && t[q] == rest[0];
      assert m[q] != t[q];
    }
  }

  /** A piece starts with `=` or `<`, if it is not empty. */
  lemma PieceHead(b: nat, j: nat)
    requires b <= 6 && 1 <= j <= 6
    ensures var p := PieceBefore(b, j); p == [] || p[0] == '=' || p[0] == '<'
  {
    if b > 0 {
      MarkerShape(b);
    }
  }

  /** A piece on its own. */
  lemma UnmarkAlone(b: nat, j: nat)
    requires b <= 6 && 1 <= j <= 6
    ensures ReplaceAll(PieceBefore(b, j), Marker(j), Eq(j)) == PieceBefore(b, j + 1)
  {
    assert PieceBefore(b, j) + [] == PieceBefore(b, j);
    UnmarkPiece(b, j, []);
    assert ReplaceAll([], Marker(j), Eq(j)) == [];
    assert PieceBefore(b, j + 1) + [] == PieceBefore(b, j + 1);
  }

  lemma UnmarkRound(a: nat, mid: string, b: nat, j: nat)
    requires a <= 6 && b <= 6 && 1 <= j <= 6 && !Occurs("<heading_", mid)
    ensures ReplaceAll(PieceBefore(a, j) + mid + PieceBefore(b, j), Marker(j), Eq(j))
         == PieceBefore(a, j + 1) + mid + PieceBefore(b, j + 1)
  {
    var pa, pb := PieceBefore(a, j), PieceBefore(b, j);
    var pa', pb' := PieceBefore(a, j + 1), PieceBefore(b, j + 1);
    UnmarkPiece(a, j, mid + pb);
    UnmarkTail(mid, b, j);
    UnmarkRegroup(pa, mid, pb, pa', pb', Marker(j), Eq(j));
  }

  lemma UnmarkRegroup(pa: string, mid: string, pb: string, pa': string, pb': string, m: string, e: string)
    requires |m| > 0
    requires ReplaceAll(pa + (mid + pb), m, e) == pa' + ReplaceAll(mid + pb, m, e)
    requires ReplaceAll(mid + pb, m, e) == mid + pb'
    ensures ReplaceAll(pa + mid + pb, m, e) == pa' + mid + pb'
  {
    assert pa + mid + pb == pa + (mid + pb);
    assert pa' + (mid + pb') == pa' + mid + pb';
  }

  /** The middle and the piece after it. */
  lemma UnmarkTail(mid: string, b: nat, j: nat)
    requires b <= 6 && 1 <= j <= 6 && !Occurs("<heading_", mid)
    ensures ReplaceAll(mid + PieceBefore(b, j), Marker(j), Eq(j)) == mid + PieceBefore(b, j + 1)
  {
    PieceHead(b, j);
    UnmarkMid(mid, PieceBefore(b, j), j);
    UnmarkAlone(b, j);
  }

  lemma {:induction false} UnmarkFromShape(a: nat, mid: string, b: nat, j: nat)
    requires a <= 6 && b <= 6 && 1 <= j <= 7 && !Occurs("<heading_", mid)
    ensures UnmarkFrom(PieceBefore(a, j) + mid + PieceBefore(b, j), j) == Eq(a) + mid + Eq(b)
    decreases 7 - j
  {
    if j == 7 {
      assert PieceBefore(a, j) == Eq(a) && PieceBefore(b, j) == Eq(b);
    } else {
      UnmarkRound(a, mid, b, j);
      UnmarkFromShape(a, mid, b, j + 1);
    }
  }

  /** A rejected heading line is written back verbatim: the final pass
      turns every marker back into the signs it replaced. */
  lemma RestoreVerbatim(x: string)
    requires !Occurs("<heading_", x)
    ensures Unmark(Mark(x)) == x
  {
    assert Shaped(x, x, 0, x, 0);
    var a, mid, b := MarkFromShape(x, x, 0, x, 0, 6);
    assert PieceBefore(a, 1) == Piece(a) && PieceBefore(b, 1) == Piece(b);
    UnmarkFromShape(a, mid, b, 1);
  }


  // ---------------------------------------------------------------------
  // Numbering (1706-1714, 1758-1767)

  function Zeros(n: nat): (r: seq<int>)
    ensures |r| == n && forall i :: 0 <= i < n ==> r[i] == 0
  {
    if n == 0 then [] else [0] + Zeros(n - 1)
  }

  /** A level-L heading: slot L-1 counts up, deeper slots restart, shallower
      slots are kept. */
  function NextStack(stack: seq<int>, level: nat): (r: seq<int>)
    requires |stack| == 6 && 1 <= level <= 6
    ensures |r| == 6
    ensures forall i :: 0 <= i < level - 1 ==> r[i] == stack[i]
    ensures r[level - 1] == stack[level - 1] + 1
    ensures forall i :: level <= i < 6 ==> r[i] == 0
  {
    stack[..level - 1] + [stack[level - 1] + 1] + Zeros(6 - level)
  }

  /** The same step on the source's six-slot array, in place. */
  method PushHeading(stack: array<int>, level: nat)
    requires stack.Length == 6 && 1 <= level <= 6
    modifies stack
    ensures stack[..] == NextStack(old(stack[..]), level)
  {
    stack[level - 1] := stack[level - 1] + 1;
    var i := level;
    while i < 6
      invariant level <= i <= 6
      invariant forall j :: 0 <= j < level - 1 ==> stack[j] == old(stack[j])
      invariant stack[level - 1] == old(stack[level - 1]) + 1
      invariant forall j :: level <= j < i ==> stack[j] == 0
      invariant forall j :: i <= j < 6 ==> stack[j] == old(stack[j])
    {
      stack[i] := 0;
      i := i + 1;
    }
  }

  function Strs(ns: seq<int>): (r: seq<string>)
    ensures |r| == |ns|
  {
    if ns == [] then [] else [IntToString(ns[0])] + Strs(ns[1..])
  }

  /** `replace(/(\.0)+$/g, "")`: every trailing `.0` group removed. */
  function TrimZeroGroups(s: string): string
    decreases |s|
  {
    if EndsWith(s, ".0") then TrimZeroGroups(s[..|s| - 2]) else s
  }

  /** The dotted path of a counter state. */
  function StackPath(stack: seq<int>): string {
    TrimZeroGroups(Join(Strs(stack), "."))
  }

  lemma {:induction false} JoinSnoc(p: seq<string>, q: string, sep: string)
    requires |p| >= 1
    ensures Join(p + [q], sep) == Join(p, sep) + sep + q
    decreases |p|
  {
    if |p| == 1 {
      assert (p + [q])[1..] == [q];
    } else {
      assert (p + [q])[1..] == p[1..] + [q];
      JoinSnoc(p[1..], q, sep);
    }
  }

  lemma {:induction false} StrsAppend(a: seq<int>, b: seq<int>)
    ensures Strs(a + b) == Strs(a) + Strs(b)
    decreases |a|
  {
    if a == [] {
      assert a + b == b;
    } else {
      assert (a + b)[1..] == a[1..] + b;
      StrsAppend(a[1..], b);
    }
  }

  lemma {:induction false} JoinEndsWithLast(p: seq<string>, sep: string)
    requires |p| >= 1
    ensures EndsWith(Join(p, sep), p[|p| - 1])
    decreases |p|
  {
    if |p| > 1 {
      JoinEndsWithLast(p[1..], sep);
      var j := Join(p[1..], sep);
      var w := p[0] + sep;
      assert Join(p, sep) == w + j;
      assert (w + j)[|w + j| - |p[|p| - 1]|..] == j[|j| - |p[|p| - 1]|..];
    }
  }

  /** A positive number is not written as `0`. */
  lemma PositiveString(n: nat)
    requires n >= 1
    ensures |NatToString(n)| == 1 ==> NatToString(n)[0] != '0'
  {
    if n >= 10 {
      assert |NatToString(n)| >= 2;
    }
  }

  /** A string ending in a number other than `0` does not end in `.0`. */
  lemma NoZeroGroupSuffix(j: string, last: string)
    requires EndsWith(j, last) && IsDigits(last)
    requires |last| == 1 ==> last[0] != '0'
    ensures !EndsWith(j, ".0")
  {
    var n := |j|;
    var m := |last|;
    assert j[n - m..] == last;
    assert j[n - 1] == last[m - 1];
    assert m >= 2 ==> j[n - 2] == last[m - 2] && IsDigit(last[m - 2]);
    assert n >= 2 ==> j[n - 2..][0] == j[n - 2] && j[n - 2..][1] == j[n - 1];
  }

  /** Trimming stops at a last counter other than zero. */
  lemma TrimStops(ns: seq<int>)
    requires |ns| >= 1 && ns[|ns| - 1] > 0
    ensures TrimZeroGroups(Join(Strs(ns), ".")) == Join(Strs(ns), ".")
  {
    LastGroupNotZero(ns);
  }

  lemma LastGroupNotZero(ns: seq<int>)
    requires |ns| >= 1 && ns[|ns| - 1] > 0
    ensures !EndsWith(Join(Strs(ns), "."), ".0")
  {
    var k := |ns| - 1;
    var p := Strs(ns);
    var last := NatToString(ns[k]);
    StrsAt(ns, k);
    assert p[|p| - 1] == last;
    JoinEndsWithLast(p, ".");
    var j := Join(p, ".");
    assert EndsWith(j, last);
    PositiveString(ns[k]);
    assert IsDigits(last) && (|last| == 1 ==> last[0] != '0');
    NoZeroGroupSuffix(j, last);
  }

  /** A zero counter adds a `.0` group. */
  lemma JoinZero(ms: seq<int>)
    requires |ms| >= 1
    ensures Join(Strs(ms + [0]), ".") == Join(Strs(ms), ".") + ".0"
  {
    StrsAppend(ms, [0]);
    StrsZero();
    JoinSnoc(Strs(ms), "0", ".");
    DotZero(Join(Strs(ms), "."));
  }

  lemma DotZero(j: string)
    ensures j + "." + "0" == j + ".0"
  {
    assert "." + "0" == ".0";
  }

  lemma StrsZero()
    ensures Strs([0]) == ["0"]
  {
    assert [0][1..] == [];
  }

  /** The path keeps the counters up to the last non-zero one. */
  lemma {:induction false} TrimTrailingZeros(ns: seq<int>, z: nat)
    requires |ns| >= 1 && ns[|ns| - 1] > 0
    ensures TrimZeroGroups(Join(Strs(ns + Zeros(z)), ".")) == Join(Strs(ns), ".")
    decreases z
  {
    if z == 0 {
      assert ns + Zeros(0) == ns;
      TrimStops(ns);
    } else {
      var ms := ns + Zeros(z - 1);
      assert ns + Zeros(z) == ms + [0];
      JoinZero(ms);
      var j := Join(Strs(ms), ".");
      assert EndsWith(j + ".0", ".0");
      assert (j + ".0")[..|j + ".0"| - 2] == j;
      TrimTrailingZeros(ns, z - 1);
    }
  }

  lemma {:induction false} StrsAt(ns: seq<int>, i: nat)
    requires i < |ns| && ns[i] >= 0
    ensures Strs(ns)[i] == NatToString(ns[i])
    decreases i
  {
    if i > 0 {
      StrsAt(ns[1..], i - 1);
    }
  }

  /** After a level-L heading the path has exactly L components: the kept
      counters and the one just raised. */
  lemma PathAfterPush(stack: seq<int>, level: nat)
    requires |stack| == 6 && 1 <= level <= 6 && stack[level - 1] >= 0
    ensures StackPath(NextStack(stack, level)) == Join(Strs(NextStack(stack, level)[..level]), ".")
  {
    var r := NextStack(stack, level);
    assert r == r[..level] + Zeros(6 - level);
    TrimTrailingZeros(r[..level], 6 - level);
  }

  /** `"0.".repeat(a)`. */
  function ZeroDots(a: nat): string {
    if a == 0 then "" else "0." + ZeroDots(a - 1)
  }

  /** The number of leading `0.` groups all paths share, at most five: the
      first of 5, 4, …, 0 for which every path has that prefix. */
  function CommonZeros(paths: seq<string>, a: nat): (r: nat)
    ensures r <= a
    ensures r > 0 ==> forall i :: 0 <= i < |paths| ==> StartsWith(paths[i], ZeroDots(r))
    ensures forall c :: r < c <= a ==> exists i :: 0 <= i < |paths| && !StartsWith(paths[i], ZeroDots(c))
  {
    if a == 0 then 0
    else if forall i :: 0 <= i < |paths| ==> StartsWith(paths[i], ZeroDots(a)) then a
    else CommonZeros(paths, a - 1)
  }

  lemma {:induction false} ZeroDotsLength(a: nat)
    ensures |ZeroDots(a)| == 2 * a
  {
    if a > 0 { ZeroDotsLength(a - 1); }
  }

  /** Every path with the shared `0.` groups removed. */
  function StripCommon(paths: seq<string>): (r: seq<string>)
    ensures |r| == |paths|
  {
    var a := CommonZeros(paths, 5);
    ZeroDotsLength(a);
    seq(|paths|, i requires 0 <= i < |paths| =>
      if StartsWith(paths[i], ZeroDots(a)) then paths[i][2 * a..] else paths[i])
  }

  /** The raw paths of a run of accepted headings, from a zero counter. */
  function NumberFrom(stack: seq<int>, levels: seq<nat>): (r: seq<string>)
    requires |stack| == 6 && forall i :: 0 <= i < |levels| ==> 1 <= levels[i] <= 6
    ensures |r| == |levels|
    decreases |levels|
  {
    if levels == [] then []
    else
      var next := NextStack(stack, levels[0]);
      [StackPath(next)] + NumberFrom(next, levels[1..])
  }

  function SameLevel(level: nat, n: nat): (r: seq<nat>)
    ensures |r| == n && forall i :: 0 <= i < n ==> r[i] == level
  {
    if n == 0 then [] else [level] + SameLevel(level, n - 1)
  }

  function StackAt(level: nat, k: nat): (r: seq<int>)
    requires 1 <= level <= 6
  {
    Zeros(level - 1) + [k] + Zeros(6 - level)
  }

  /** n headings of one level L, from a counter that is zero, get the
      paths `0.`…`0.` (L-1 times) followed by 1, 2, …, n. */
  lemma {:induction false} SameLevelPaths(level: nat, k: nat, n: nat)
    requires 1 <= level <= 6
    ensures var ps := NumberFrom(StackAt(level, k), SameLevel(level, n));
      |ps| == n && forall i :: 0 <= i < n ==> ps[i] == ZeroDots(level - 1) + NatToString(k + i + 1)
    decreases n
  {
    if n > 0 {
      SameLevelPaths(level, k + 1, n - 1);
      SameLevelHead(level, k, n);
      var rest := NumberFrom(StackAt(level, k + 1), SameLevel(level, n - 1));
      ConsecutivePaths(ZeroDots(level - 1), k, n, rest);
    }
  }

  /** Path `k + 1` in front of paths `k + 2`, …, `k + n`. */
  lemma ConsecutivePaths(z: string, k: nat, n: nat, rest: seq<string>)
    requires n > 0 && |rest| == n - 1
    requires forall i :: 0 <= i < n - 1 ==> rest[i] == z + NatToString(k + 1 + i + 1)
    ensures var ps := [z + NatToString(k + 1)] + rest;
      |ps| == n && forall i :: 0 <= i < n ==> ps[i] == z + NatToString(k + i + 1)
  {
    var ps := [z + NatToString(k + 1)] + rest;
    forall i | 0 <= i < n ensures ps[i] == z + NatToString(k + i + 1) {
      if i > 0 {
        assert ps[i] == rest[i - 1];
      }
    }
  }

  /** The first heading of the run gets the path ending in `k + 1`. */
  lemma SameLevelHead(level: nat, k: nat, n: nat)
    requires 1 <= level <= 6 && n > 0
    ensures NumberFrom(StackAt(level, k), SameLevel(level, n))
      == [ZeroDots(level - 1) + NatToString(k + 1)] + NumberFrom(StackAt(level, k + 1), SameLevel(level, n - 1))
  {
    var s := StackAt(level, k);
    var next := NextStack(s, level);
    assert next == StackAt(level, k + 1);
    PathAfterPush(s, level);
    ZeroPrefixPath(level, k + 1);
    assert SameLevel(level, n)[1..] == SameLevel(level, n - 1);
  }

  lemma ZeroPrefixPath(level: nat, k: nat)
    requires 1 <= level <= 6
    ensures Join(Strs(StackAt(level, k)[..level]), ".") == ZeroDots(level - 1) + NatToString(k)
  {
    assert StackAt(level, k)[..level] == Zeros(level - 1) + [k];
    ZeroThenPath(level - 1, k);
  }

  /** `m` zero counters and then `k` are written `0.`…`0.k`. */
  lemma {:induction false} ZeroThenPath(m: nat, k: nat)
    ensures Join(Strs(Zeros(m) + [k]), ".") == ZeroDots(m) + NatToString(k)
    decreases m
  {
    if m == 0 {
      assert Zeros(0) + [k] == [k];
      assert Strs([k]) == [NatToString(k)];
    } else {
      var t := Zeros(m - 1) + [k];
      ZeroThenPath(m - 1, k);
      assert Zeros(m) + [k] == [0] + t;
      StrsZeroCons(t);
      var rest := Join(Strs(t), ".");
      assert Join(["0"] + Strs(t), ".") == "0" + "." + rest;
      assert ZeroDots(m) == "0." + ZeroDots(m - 1);
      DotZeroFront(rest, ZeroDots(m - 1), NatToString(k));
    }
  }

  lemma StrsZeroCons(t: seq<int>)
    requires t != []
    ensures Strs([0] + t) == ["0"] + Strs(t) && |Strs(t)| >= 1
  {
    assert ([0] + t)[1..] == t;
  }

  lemma DotZeroFront(rest: string, z: string, n: string)
    requires rest == z + n
    ensures "0" + "." + rest == "0." + z + n
  {
    assert "0" + "." == "0.";
  }


  /** ... so once the shared prefix is stripped they read 1, 2, …, n. */
  lemma SameLevelStripped(level: nat, n: nat)
    requires 1 <= level <= 6 && n >= 1
    ensures var ps := StripCommon(NumberFrom(StackAt(level, 0), SameLevel(level, n)));
      forall i :: 0 <= i < n ==> ps[i] == NatToString(i + 1)
  {
    var ps := NumberFrom(StackAt(level, 0), SameLevel(level, n));
    SameLevelShape(level, n);
    CommonZerosExactly(ps, level - 1);
  }

  /** The paths share `level - 1` groups, and the first has no more. */
  lemma SameLevelShape(level: nat, n: nat)
    requires 1 <= level <= 6 && n >= 1
    ensures var ps := NumberFrom(StackAt(level, 0), SameLevel(level, n));
      && |ps| == n
      && (forall i :: 0 <= i < n ==>
            StartsWith(ps[i], ZeroDots(level - 1)) && |ps[i]| >= 2 * (level - 1)
            && ps[i][2 * (level - 1)..] == NatToString(i + 1))
      && (forall c :: level - 1 < c ==> !StartsWith(ps[0], ZeroDots(c)))
  {
    var ps := NumberFrom(StackAt(level, 0), SameLevel(level, n));
    SameLevelPaths(level, 0, n);
    forall i | 0 <= i < n
      ensures StartsWith(ps[i], ZeroDots(level - 1)) && |ps[i]| >= 2 * (level - 1)
              && ps[i][2 * (level - 1)..] == NatToString(i + 1)
    {
      StripOne(ps[i], level - 1, NatToString(0 + i + 1));
    }
    PositiveString(1);
    NotMoreZeros(ps[0], level - 1, NatToString(0 + 0 + 1));
  }

  /** The shared groups are exactly `z` when all paths have `z` and the
      first has no more. */
  lemma CommonZerosExactly(paths: seq<string>, z: nat)
    requires |paths| > 0 && z <= 5
    requires forall i :: 0 <= i < |paths| ==> StartsWith(paths[i], ZeroDots(z))
    requires forall c :: z < c ==> !StartsWith(paths[0], ZeroDots(c))
    ensures CommonZeros(paths, 5) == z
  {
    var a := CommonZeros(paths, 5);
    assert a <= z;
  }

  /** A path with `z` shared groups, stripped of them. */
  lemma StripOne(p: string, z: nat, d: string)
    requires p == ZeroDots(z) + d
    ensures StartsWith(p, ZeroDots(z)) && |p| >= 2 * z && p[2 * z..] == d
  {
    ZeroDotsLength(z);
    assert p[..2 * z] == ZeroDots(z);
  }

  /** A path whose first non-`0.` component is not `0` has no longer
      `0.` prefix. */
  lemma NotMoreZeros(p: string, z: nat, d: string)
    requires p == ZeroDots(z) + d && |d| > 0 && d[0] != '0'
    ensures forall c :: z < c ==> !StartsWith(p, ZeroDots(c))
  {
    ZeroDotsLength(z);
    assert p[2 * z] == d[0];
    forall c | z < c ensures !StartsWith(p, ZeroDots(c)) {
      ZeroDotsAt(c, z);
      var zs := ZeroDots(c);
      assert |p| >= |zs| ==> p[..|zs|][2 * z] == p[2 * z];
    }
  }

  lemma {:induction false} ZeroDotsAt(a: nat, j: nat)
    requires j < a
    ensures |ZeroDots(a)| == 2 * a && ZeroDots(a)[2 * j] == '0'
    decreases a
  {
    ZeroDotsLength(a);
    if j > 0 {
      ZeroDotsAt(a - 1, j - 1);
      ZeroDotsLength(a - 1);
      assert ZeroDots(a)[2 * j] == ZeroDots(a - 1)[2 * j - 2];
    }
  }

  /** Levels 1, 2, 1 read 1, 1.1, 2. */
  lemma NestedExample()
    ensures StripCommon(NumberFrom(Zeros(6), [1, 2, 1])) == ["1", "1.1", "2"]
  {
    NestedPaths();
    var ps := ["1", "1.1", "2"];
    assert ZeroDots(0) + "1" == ps[0];
    NotMoreZeros(ps[0], 0, "1");
    assert CommonZeros(ps, 5) == 0;
  }

  lemma NestedPaths()
    ensures NumberFrom(Zeros(6), [1, 2, 1]) == ["1", "1.1", "2"]
  {
    NestedFromSecond();
    NestedPathOne();
    var l: seq<nat> := [1, 2, 1];
    assert l[1..] == [2, 1];
    NestedFirstStack();
  }

  lemma NestedFirstStack()
    ensures NextStack(Zeros(6), 1) == [1, 0, 0, 0, 0, 0]
  {
    StackIs(Zeros(6), 1, [1, 0, 0, 0, 0, 0]);
  }

  /** A counter, slot by slot. */
  lemma StackIs(stack: seq<int>, level: nat, r: seq<int>)
    requires |stack| == 6 && 1 <= level <= 6 && |r| == 6
    requires forall i :: 0 <= i < level - 1 ==> r[i] == stack[i]
    requires r[level - 1] == stack[level - 1] + 1
    requires forall i :: level <= i < 6 ==> r[i] == 0
    ensures NextStack(stack, level) == r
  {
  }

  lemma NestedFromSecond()
    ensures NumberFrom([1, 0, 0, 0, 0, 0], [2, 1]) == ["1.1", "2"]
  {
    NestedFromThird();
    NestedPathTwo();
    var l: seq<nat> := [2, 1];
    assert l[1..] == [1];
    StackIs([1, 0, 0, 0, 0, 0], 2, [1, 1, 0, 0, 0, 0]);
  }

  lemma NestedFromThird()
    ensures NumberFrom([1, 1, 0, 0, 0, 0], [1]) == ["2"]
  {
    NestedPathThree();
    var l: seq<nat> := [1];
    assert l[1..] == [];
    StackIs([1, 1, 0, 0, 0, 0], 1, [2, 0, 0, 0, 0, 0]);
  }

  lemma NestedPathOne()
    ensures StackPath([1, 0, 0, 0, 0, 0]) == "1"
  {
    var s := [1, 0, 0, 0, 0, 0];
    assert s == NextStack(Zeros(6), 1);
    PathAfterPush(Zeros(6), 1);
    assert s[..1] == [1];
    assert Strs([1]) == ["1"];
  }

  lemma NestedPathTwo()
    ensures StackPath([1, 1, 0, 0, 0, 0]) == "1.1"
  {
    var s := [1, 1, 0, 0, 0, 0];
    assert s == NextStack([1, 0, 0, 0, 0, 0], 2);
    PathAfterPush([1, 0, 0, 0, 0, 0], 2);
    assert s[..2] == [1, 1];
    assert Strs([1, 1]) == ["1", "1"];
  }

  lemma NestedPathThree()
    ensures StackPath([2, 0, 0, 0, 0, 0]) == "2"
  {
    var s := [2, 0, 0, 0, 0, 0];
    assert s == NextStack([1, 1, 0, 0, 0, 0], 1);
    PathAfterPush([1, 1, 0, 0, 0, 0], 1);
    assert s[..1] == [2];
    assert Strs([2]) == ["2"];
  }

  // ---------------------------------------------------------------------
  // The pass

  /** What the pass makes of one heading line. */
  datatype Outcome =
    | Numbered(level: nat, fold: bool, path: string, text: string)
    | Restored(line: string)

  /** The counter after one line: raised for an accepted heading, kept
      for a rejected one. */
  function After(stack: seq<int>, l: Line): (r: seq<int>)
    requires |stack| == 6
    ensures |r| == 6
  {
    if Accepted(l) then NextStack(stack, l.level) else stack
  }

  /** What one line becomes: restored through markers when rejected,
      numbered with the raised counter when accepted. */
  function OutcomeOf(stack: seq<int>, l: Line): Outcome
    requires |stack| == 6
  {
    if Accepted(l) then Numbered(l.level, l.fold, StackPath(After(stack, l)), HeadingText(l.rest))
    else Restored(Mark(LineText(l)))
  }

  /** The pass as a function of the counter and the remaining lines. */
  function Pass(stack: seq<int>, lines: seq<Line>): (r: seq<Outcome>)
    requires |stack| == 6
    ensures |r| == |lines|
    decreases |lines|
  {
    if lines == [] then []
    else
      [OutcomeOf(stack, lines[0])] + Pass(After(stack, lines[0]), lines[1..])
  }

  lemma PassUnfold(stack: seq<int>, lines: seq<Line>, i: nat)
    requires |stack| == 6 && i < |lines|
    ensures Pass(stack, lines[i..]) == [OutcomeOf(stack, lines[i])] + Pass(After(stack, lines[i]), lines[i + 1..])
  {
    assert lines[i..][0] == lines[i];
    assert lines[i..][1..] == lines[i + 1..];
  }

  /** The loop budget: `(match || []).length * 3` of a match with four
      groups is 15, and the loop runs while it is not negative. */
  const HeadingBudget: nat := 15

  /** One heading line: numbered with the counter raised in place, or
      restored through markers. */
  method HandleLine(stack: array<int>, l: Line) returns (o: Outcome)
    requires stack.Length == 6
    modifies stack
    ensures o == OutcomeOf(old(stack[..]), l) && stack[..] == After(old(stack[..]), l)
  {
    if !Accepted(l) {
      o := Restored(Mark(LineText(l)));
    } else {
      PushHeading(stack, l.level);
      o := Numbered(l.level, l.fold, StackPath(stack[..]), HeadingText(l.rest));
    }
  }

  /** `manageHeading`'s loop over the heading lines in document order, with
      the counter array updated in place. At most 16 lines are handled. */
  method ManageHeading(lines: seq<Line>) returns (out: seq<Outcome>)
    ensures |out| == if |lines| <= HeadingBudget + 1 then |lines| else HeadingBudget + 1
    ensures out == Pass(Zeros(6), lines[..|out|])
  {
    var stack := new int[6](_ => 0);
    assert stack[..] == Zeros(6);
    assert lines[0..] == lines;
    ghost var whole := Pass(Zeros(6), lines);
    var budget: int := HeadingBudget;
    var i := 0;
    out := [];
    while i < |lines| && budget >= 0
      invariant 0 <= i <= |lines| && i <= HeadingBudget + 1 && budget == HeadingBudget - i
      invariant stack.Length == 6
      invariant out + Pass(stack[..], lines[i..]) == whole
      invariant |out| == i
      decreases |lines| - i
    {
      PassUnfold(stack[..], lines, i);
      var o := HandleLine(stack, lines[i]);
      Regroup(out, o, Pass(stack[..], lines[i + 1..]));
      out := out + [o];
      i := i + 1;
      budget := budget - 1;
    }
    PassSplit(lines, i, out, stack[..]);
    HeadingTurns(|lines|, i);
  }

  /** What the loop has produced after `i` lines is the pass over them. */
  lemma PassSplit(lines: seq<Line>, i: nat, done: seq<Outcome>, stack: seq<int>)
    requires |stack| == 6 && i <= |lines| && |done| == i
    requires done + Pass(stack, lines[i..]) == Pass(Zeros(6), lines)
    ensures done == Pass(Zeros(6), lines[..i])
  {
    PassPrefix(Zeros(6), lines, i);
    assert (done + Pass(stack, lines[i..]))[..i] == done;
  }

  /** The loop stops at the end of the lines or when the budget is spent. */
  lemma HeadingTurns(n: nat, i: nat)
    requires i <= n && i <= HeadingBudget + 1
    requires i == n || i == HeadingBudget + 1
    ensures i == if n <= HeadingBudget + 1 then n else HeadingBudget + 1
  {
  }

  lemma Regroup(done: seq<Outcome>, o: Outcome, rest: seq<Outcome>)
    ensures (done + [o]) + rest == done + ([o] + rest)
  {
  }

  /** The pass over a prefix is a prefix of the pass. */
  lemma {:induction false} PassPrefix(stack: seq<int>, lines: seq<Line>, n: nat)
    requires |stack| == 6 && n <= |lines|
    ensures Pass(stack, lines[..n]) == Pass(stack, lines)[..n]
    decreases n
  {
    if n > 0 {
      var next := After(stack, lines[0]);
      PassPrefix(next, lines[1..], n - 1);
      TakeParts(lines, n);
      PassHead(stack, lines[..n]);
      PassHead(stack, lines);
      ConsTake(OutcomeOf(stack, lines[0]), Pass(next, lines[1..]), n);
    }
  }

  lemma PassHead(stack: seq<int>, lines: seq<Line>)
    requires |stack| == 6 && lines != []
    ensures Pass(stack, lines) == [OutcomeOf(stack, lines[0])] + Pass(After(stack, lines[0]), lines[1..])
  {
  }

  lemma TakeParts(lines: seq<Line>, n: nat)
    requires 0 < n <= |lines|
    ensures lines[..n][0] == lines[0] && lines[..n][1..] == lines[1..][..n - 1]
  {
  }

  lemma ConsTake(o: Outcome, rest: seq<Outcome>, n: nat)
    requires 0 < n <= |rest| + 1
    ensures [o] + rest[..n - 1] == ([o] + rest)[..n]
  {
  }
}
